/**
 When a turn that returns an error still shows its whole reply. What is missing from the chat is
 measured by its ink: the characters that are not white space.
 */
module TurnWriterFailures {
  import opened Base
  import opened CodePoints
  import opened TurnWriter
  import opened TurnWriterReading
  import opened TurnWriterCalls

  function Ink(s: string): (n: nat)
    ensures n == 0 <==> Blank(s)
  {
    if s == "" then 0 else Ink(s[..|s| - 1]) + if IsSpace(s[|s| - 1]) then 0 else 1
  }

  function WritesInk(ws: seq<Write>): nat {
    if ws == [] then 0 else WritesInk(ws[..|ws| - 1]) + Ink(ws[|ws| - 1].text)
  }

  /** The ink of the chat's reply messages. */
  function ReplyInk(log: seq<Message>): nat {
    if log == [] then 0
    else
      var last := log[|log| - 1];
      ReplyInk(log[..|log| - 1]) + if last.kind == Reply then Ink(last.content) else 0
  }

  lemma {:induction false} InkConcat(a: string, b: string)
    ensures Ink(a + b) == Ink(a) + Ink(b)
    decreases |b|
  {
    if b == "" {
      Unit(a);
    } else {
      var n := |b| - 1;
      assert (a + b)[..|a + b| - 1] == a + b[..n] && (a + b)[|a + b| - 1] == b[n];
      InkConcat(a, b[..n]);
    }
  }

  lemma {:induction false} WritesInkConcat(a: seq<Write>, b: seq<Write>)
    ensures WritesInk(a + b) == WritesInk(a) + WritesInk(b)
    decreases |b|
  {
    if b == [] {
      Unit(a);
    } else {
      var n := |b| - 1;
      assert (a + b)[..|a + b| - 1] == a + b[..n] && (a + b)[|a + b| - 1] == b[n];
      WritesInkConcat(a, b[..n]);
    }
  }

  lemma KeptInk(t: string)
    ensures WritesInk(Kept(RepliesOnly, Write(Reply, t))) == Ink(t)
  {
    var ws := [Write(Reply, t)];
    assert ws[..0] == [];
  }

  lemma {:induction false} TextsInk(texts: seq<string>)
    ensures WritesInk(KeepTexts(RepliesOnly, Reply, texts)) == Ink(Concat(texts))
    decreases |texts|
  {
    if texts != [] {
      var n := |texts| - 1;
      TextsInk(texts[..n]);
      KeptInk(texts[n]);
      WritesInkConcat(KeepTexts(RepliesOnly, Reply, texts[..n]), Kept(RepliesOnly, Write(Reply, texts[n])));
      InkConcat(Concat(texts[..n]), texts[n]);
    }
  }

  /** However the chat is read, its replies have the ink of the messages. */
  lemma {:induction false} ChatInk(cfg: Config, log: seq<Message>, es: seq<Entry>)
    requires MadeOf(cfg, log, es)
    ensures WritesInk(Read(RepliesOnly, es)) == ReplyInk(log)
    decreases |es|
  {
    if es != [] {
      var n := |es| - 1;
      ChatInk(cfg, log[..n], es[..n]);
      var last := KeepTexts(RepliesOnly, es[n].kind, es[n].texts);
      WritesInkConcat(Read(RepliesOnly, es[..n]), last);
      assert log[n] == Message(es[n].kind, Render(cfg, es[n]));
      match es[n].kind
      case Reply => TextsInk(es[n].texts);
      case Status => StatusNotKept(RepliesOnly, es[n].texts);
    }
  }

  /** A chat with less ink than was written reads as something else. */
  lemma LessInkReadsLess(cfg: Config, log: seq<Message>, ws: seq<Write>)
    requires ReplyInk(log) < WritesInk(Keep(RepliesOnly, ws))
    ensures !ReadsAs(cfg, RepliesOnly, log, ws)
  {
    if ReadsAs(cfg, RepliesOnly, log, ws) {
      var es :| MadeOf(cfg, log, es) && Read(RepliesOnly, es) == Keep(RepliesOnly, ws);
      ChatInk(cfg, log, es);
    }
  }

  /** What the chat lacks is the ink of a reply text that it does not show. */
  lemma PendingInk(cfg: Config, s: State, g: Texts, texts: seq<string>, ws: seq<Write>)
    requires MadeOf(cfg, s.log, g.chat) && Pending(RepliesOnly, s, g, texts, ws)
    ensures WritesInk(Keep(RepliesOnly, ws)) == ReplyInk(s.log) + Ink(Concat(texts))
  {
    ChatInk(cfg, s.log, g.chat);
    TextsInk(texts);
    WritesInkConcat(Read(RepliesOnly, g.chat), KeepTexts(RepliesOnly, Reply, texts));
  }

  lemma DraftInk(cfg: Config, s: State, g: Texts, ws: seq<Write>)
    requires Inv(cfg, RepliesOnly, s, g, ws) && s.draftLive
    ensures ReplyInk(s.log) < WritesInk(Keep(RepliesOnly, ws))
  {
    PendingInk(cfg, s, g, g.reply, ws);
  }

  lemma LaterInk(ws: seq<Write>, w: Write)
    ensures WritesInk(Keep(RepliesOnly, ws + [w]))
         == WritesInk(Keep(RepliesOnly, ws)) + if w.kind == Reply then Ink(w.text) else 0
  {
    KeepSnoc(RepliesOnly, ws, w);
    WritesInkConcat(Keep(RepliesOnly, ws), Kept(RepliesOnly, w));
    if w.kind == Reply { KeptInk(w.text); }
  }

  // ---- What a failing write loses -------------------------------------------------------------

  lemma FailedFlush(s: State, ok: bool)
    requires FlushDraft(s, ok).failed
    ensures s.draftLive && FlushDraft(s, ok).state.log == s.log
  {}

  lemma FailedSend(s: State, t: string, env: Env)
    requires s.respID.None? && ShowReply(s, t, env).failed
    ensures ShowReply(s, t, env).state.log == s.log && !Blank(s.respBuf)
  {}

  lemma ShowsByEdit(s: State, t: string, env: Env)
    requires s.respID.Some?
    ensures ShowReply(s, t, env) == if Blank(s.respBuf) then Outcome(s, false) else EditOrRecoverReply(s, t, env)
  {
    hide StreamDraft, EditOrRecoverReply;
  }

  lemma FailedRecovery(s: State, t: string, env: Env)
    requires s.respID.Some? && EditOrRecoverReply(s, t, env).failed
    ensures EditOrRecoverReply(s, t, env).state.log == s.log
    ensures !env.editOk && Shown(s, s.respID.value) != s.respBuf
  {
    hide Replace;
  }

  lemma FailedEdit(s: State, t: string, env: Env)
    requires s.respID.Some? && ShowReply(s.(respBuf := s.respBuf + t), t, env).failed
    requires Shown(s, s.respID.value) == s.respBuf
    ensures ShowReply(s.(respBuf := s.respBuf + t), t, env).state.log == s.log && t != "" && !env.editOk
  {
    hide ShowReply, EditOrRecoverReply;
    var added := s.(respBuf := s.respBuf + t);
    ShowsByEdit(added, t, env);
    FailedRecovery(added, t, env);
    Unit(s.respBuf);
  }

  /** What a failing write leaves: nothing is missing after a bare separator, and otherwise a visible
      part of the reply is. */
  ghost predicate Loses(cfg: Config, s: State, g: Texts, ws: seq<Write>, w: Write, env: Env) {
    var log := WriteSplit(cfg, s, w, env).state.log;
    if BareSeparatorRecovery(cfg, s, w, env)
    then log == s.log && !s.draftLive && Keep(RepliesOnly, ws + [w]) == Keep(RepliesOnly, ws)
    else ReplyInk(log) < WritesInk(Keep(RepliesOnly, ws + [w]))
  }

  lemma StatusLoses(cfg: Config, s: State, g: Texts, ws: seq<Write>, t: string, env: Env)
    requires Inv(cfg, RepliesOnly, s, g, ws) && WriteStatus(cfg, s, t, env).failed
    ensures Loses(cfg, s, g, ws, Write(Status, t), env)
  {
    FailedFlush(s, env.flushOk);
    DraftInk(cfg, s, g, ws);
    LaterInk(ws, Write(Status, t));
  }

  /** Showing the buffer fails: the new text is lost, or the whole buffer where no message holds it. */
  lemma ShowLoses(cfg: Config, s: State, g: Texts, ws: seq<Write>, t: string, env: Env)
    requires Inv(cfg, RepliesOnly, s, g, ws) && !s.respSealed
    requires ShowReply(s.(respBuf := s.respBuf + t), t, env).failed
    ensures var log := ShowReply(s.(respBuf := s.respBuf + t), t, env).state.log;
            log == s.log
            && if s.respID.Some? && Blank(t) then t != "" && !env.editOk
               else ReplyInk(log) < WritesInk(Keep(RepliesOnly, ws + [Write(Reply, t)]))
  {
    hide ShowReply;
    if s.respID.None? {
      FailedSend(s.(respBuf := s.respBuf + t), t, env);
      ReplyPending(cfg, RepliesOnly, s, g, ws, t);
      ConcatSnoc(g.reply, t);
      PendingInk(cfg, s, g, g.reply + [t], ws + [Write(Reply, t)]);
    } else {
      FailedEdit(s, t, env);
      ChatInk(cfg, s.log, g.chat);
      LaterInk(ws, Write(Reply, t));
    }
  }

  lemma ReplyLoses(cfg: Config, s: State, g: Texts, ws: seq<Write>, t: string, env: Env)
    requires Inv(cfg, RepliesOnly, s, g, ws) && WriteReply(cfg, s, t, env).failed
    ensures Loses(cfg, s, g, ws, Write(Reply, t), env)
  {
    hide ShowReply, Inv, WritesInk, ReplyInk, Keep;
    var w := Write(Reply, t);
    var started := StartReply(s);
    var g' := StartReplyKeeps(cfg, RepliesOnly, s, g, ws);
    var rotated := RotateReply(cfg, started, t, env.flushOk);
    LaterInk(ws, w);
    Started(cfg, s, g, ws);
    if rotated.failed {
      FailedFlush(started, env.flushOk);
      DraftInk(cfg, started, g', ws);
    } else {
      g' := RotateReplyKeeps(cfg, RepliesOnly, started, g', ws, t, env.flushOk);
      ShowLoses(cfg, rotated.state, g', ws, t, env);
      if rotated.state.respID.Some? && Blank(t) { KeepBlank(ws, w); }
    }
  }

  lemma Started(cfg: Config, s: State, g: Texts, ws: seq<Write>)
    requires Inv(cfg, RepliesOnly, s, g, ws)
    ensures var started := StartReply(s);
            started.draftLive == s.draftLive && started.log == s.log
            && (s.draftLive ==> s.respID.None?)
            && (started.respID.Some? <==> s.respID.Some? && !s.respSealed)
            && (started.respID.Some? ==> started.respBuf == s.respBuf && started.respBuf != "")
  {}

  lemma KeepBlank(ws: seq<Write>, w: Write)
    requires Blank(w.text)
    ensures Keep(RepliesOnly, ws + [w]) == Keep(RepliesOnly, ws)
  {
    KeepSnoc(RepliesOnly, ws, w);
    Unit(Keep(RepliesOnly, ws));
  }

  // ---- Whole turns ----------------------------------------------------------------------------

  /** The write a turn failed at is a separator whose edit was refused. */
  predicate FailedAtSeparator(cfg: Config, steps: seq<Step>) {
    var n := |Run(cfg, steps).writes|;
    0 < n <= |steps| && Run(cfg, steps).failed
    && BareSeparatorRecovery(cfg, Run(cfg, steps[..n - 1]).state, steps[n - 1].write, steps[n - 1].env)
  }

  lemma {:induction false} WritesDone(cfg: Config, steps: seq<Step>)
    ensures var t := Run(cfg, steps);
            |t.writes| <= |steps| && (!t.failed ==> |t.writes| == |steps|) && (t.failed ==> t.writes != [])
    decreases |steps|
  {
    hide WriteSplit;
    if steps != [] { WritesDone(cfg, steps[..|steps| - 1]); }
  }

  lemma RunOn(cfg: Config, steps: seq<Step>)
    requires steps != []
    ensures var t, step := Run(cfg, steps[..|steps| - 1]), steps[|steps| - 1];
            var o := WriteSplit(cfg, t.state, step.write, step.env);
            Run(cfg, steps) == if t.failed then t else Turn(o.state, t.writes + [step.write], o.failed)
  {
    hide WriteSplit;
  }

  lemma {:induction false} FailedReads(cfg: Config, steps: seq<Step>)
    requires Run(cfg, steps).failed
    ensures var t := Run(cfg, steps);
            ReadsAs(cfg, RepliesOnly, t.state.log, t.writes) <==> FailedAtSeparator(cfg, steps)
    decreases |steps|
  {
    hide Run, WriteSplit, BareSeparatorRecovery, ReadsAs, Inv, Answered, Recent;
    WritesDone(cfg, steps);
    RunOn(cfg, steps);
    var front, step := steps[..|steps| - 1], steps[|steps| - 1];
    var t := Run(cfg, front);
    WritesDone(cfg, front);
    if t.failed {
      FailedReads(cfg, front);
      assert front[..|t.writes| - 1] == steps[..|t.writes| - 1];
    } else {
      NothingNeeded(front);
      var g := RunKeeps(cfg, RepliesOnly, front);
      FailingReads(cfg, t.state, g, t.writes, step.write, step.env);
    }
  }

  /** A reading of the reply depends on no answer. */
  lemma NothingNeeded(steps: seq<Step>)
    ensures Answered(RepliesOnly, steps)
  {}

  lemma FailingReads(cfg: Config, s: State, g: Texts, ws: seq<Write>, w: Write, env: Env)
    requires Inv(cfg, RepliesOnly, s, g, ws) && WriteSplit(cfg, s, w, env).failed
    ensures ReadsAs(cfg, RepliesOnly, WriteSplit(cfg, s, w, env).state.log, ws + [w])
        <==> BareSeparatorRecovery(cfg, s, w, env)
  {
    hide BareSeparatorRecovery, WriteStatus, WriteReply;
    match w {
      case Write(Status, t) => StatusLoses(cfg, s, g, ws, t, env);
      case Write(Reply, t) => ReplyLoses(cfg, s, g, ws, t, env);
    }
    var log := WriteSplit(cfg, s, w, env).state.log;
    if BareSeparatorRecovery(cfg, s, w, env) {
      assert MadeOf(cfg, log, g.chat) && Read(RepliesOnly, g.chat) == Keep(RepliesOnly, ws + [w]);
    } else {
      LessInkReadsLess(cfg, log, ws + [w]);
    }
  }

  /** Whatever the transport answers: a turn shows its whole reply, once and in order, if and only if
      no write and no final flush failed, or the write it failed at is a separator whose edit was
      refused. */
  lemma ReplyReadsExactly(cfg: Config, steps: seq<Step>, ok: bool)
    ensures var t := Run(cfg, steps);
            ReadsAs(cfg, RepliesOnly, Finish(t, ok).state.log, t.writes)
            <==> (!t.failed && !Finish(t, ok).failed) || FailedAtSeparator(cfg, steps)
  {
    hide Run, ReadsAs;
    var t := Run(cfg, steps);
    if t.failed {
      FailedTurnHoldsNoDraft(cfg, steps);
      FailedReads(cfg, steps);
    } else if Finish(t, ok).failed {
      var g := RunKeeps(cfg, RepliesOnly, steps);
      FailedFlush(t.state, ok);
      DraftInk(cfg, t.state, g, t.writes);
      LessInkReadsLess(cfg, t.state.log, t.writes);
    } else {
      ReplyReadsAsWritten(cfg, steps, ok);
    }
  }

  const LOST_TURN := [Step(Write(Reply, "A"), FINE.(sendOk := false))]

  /** It happens: one reply text that the transport does not take. */
  lemma ReplyCanBeLost()
    ensures var t := Run(PLAIN, LOST_TURN);
            t.failed && t.writes == [Write(Reply, "A")]
            && !ReadsAs(PLAIN, RepliesOnly, Finish(t, true).state.log, t.writes)
  {
    hide ReadsAs;
    RunOn(PLAIN, LOST_TURN);
    assert LOST_TURN[..0] == [] && Run(PLAIN, []) == Turn(Initial(PLAIN), [], false);
    assert !IsSpace("A"[0]) && "" + "A" == "A" && [] + [Write(Reply, "A")] == [Write(Reply, "A")];
    assert Run(PLAIN, LOST_TURN).failed;
    ReplyReadsExactly(PLAIN, LOST_TURN, true);
  }
}
