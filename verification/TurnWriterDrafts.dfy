/**
 What a channel that shows drafts sees of a reply: the updates of each draft, how they are spaced,
 and what becomes of a draft that is refused.
 */
module TurnWriterDrafts {
  import opened Base
  import opened CodePoints
  import opened TurnWriter
  import opened TurnWriterReading
  import opened TurnWriterCalls

  // ---- The updates so far ---------------------------------------------------------------------

  predicate IsRefusal(c: Call) { c.UpdateDraft? && c.answer == Refused }

  predicate SomeRefused(calls: seq<Call>) { exists i :: 0 <= i < |calls| && IsRefusal(calls[i]) }

  /** When a draft was last updated, if an update of it was accepted. */
  function LastAccepted(calls: seq<Call>, id: nat): Option<int> {
    if calls == [] then None
    else
      var last := calls[|calls| - 1];
      if last.UpdateDraft? && last.id == id && last.answer == Accepted then Some(last.at)
      else LastAccepted(calls[..|calls| - 1], id)
  }

  /** A later update is of the same draft or a newer one, and the earlier was not refused; one of the
      same draft shows all the earlier one did, at least 700 ms after the earlier was accepted. */
  predicate MayFollow(a: Call, b: Call) {
    a.UpdateDraft? && b.UpdateDraft? ==>
      && a.id <= b.id && a.answer != Refused
      && (a.id == b.id ==> a.content <= b.content && (a.answer == Accepted ==> b.at - a.at >= 700))
  }

  predicate Spaced(calls: seq<Call>) { forall i, j | 0 <= i < j < |calls| :: MayFollow(calls[i], calls[j]) }

  predicate IsUpdate(c: Call, id: nat) { c.UpdateDraft? && c.id == id }

  predicate Begun(calls: seq<Call>, id: nat) { exists i :: 0 <= i < |calls| && IsUpdate(calls[i], id) }

  /** A draft that stands for a reply has shown parts of it, the last of them when it says. */
  predicate Standing(calls: seq<Call>, id: nat, text: string, last: Option<int>) {
    && Begun(calls, id) && last == LastAccepted(calls, id)
    && forall i | 0 <= i < |calls| && IsUpdate(calls[i], id) ::
         calls[i].content <= text && (calls[i].answer == Accepted ==> last.Some? && calls[i].at <= last.value)
  }

  predicate UpdatesOf(calls: seq<Call>, id: nat, canDraft: bool) {
    forall i | 0 <= i < |calls| && calls[i].UpdateDraft? :: canDraft && calls[i].id <= id
  }

  /** The books of drafts: the channel gets them while none was refused. */
  predicate DraftsRight(cfg: Config, s: State) {
    && (s.drafts <==> cfg.canDraft && !SomeRefused(s.calls))
    && UpdatesOf(s.calls, s.draftID, cfg.canDraft) && Spaced(s.calls)
    && (s.draftLive ==> s.drafts && Standing(s.calls, s.draftID, s.respBuf, s.lastDraft))
  }

  // ---- Steps that update no draft -------------------------------------------------------------

  predicate NoUpdates(calls: seq<Call>) { forall i | 0 <= i < |calls| :: !calls[i].UpdateDraft? }

  lemma {:induction false} LastAcceptedOn(calls: seq<Call>, more: seq<Call>, id: nat)
    requires NoUpdates(more)
    ensures LastAccepted(calls + more, id) == LastAccepted(calls, id)
    decreases |more|
  {
    if more == [] {
      Unit(calls);
    } else {
      var n := |more| - 1;
      assert (calls + more)[..|calls + more| - 1] == calls + more[..n] && (calls + more)[|calls + more| - 1] == more[n];
      LastAcceptedOn(calls, more[..n], id);
    }
  }

  lemma OtherCalls(calls: seq<Call>, more: seq<Call>)
    requires NoUpdates(more)
    ensures SomeRefused(calls + more) <==> SomeRefused(calls)
    ensures Spaced(calls) ==> Spaced(calls + more)
  {
    var all := calls + more;
    assert forall i | 0 <= i < |calls| :: all[i] == calls[i];
    assert forall i | |calls| <= i < |all| :: all[i] == more[i - |calls|];
    if SomeRefused(calls) {
      var i :| 0 <= i < |calls| && IsRefusal(calls[i]);
      assert IsRefusal(all[i]);
    }
  }

  lemma StillStanding(calls: seq<Call>, more: seq<Call>, id: nat, text: string, later: string, last: Option<int>)
    requires NoUpdates(more) && Standing(calls, id, text, last) && text <= later
    ensures Standing(calls + more, id, later, last)
  {
    var all := calls + more;
    LastAcceptedOn(calls, more, id);
    var i :| 0 <= i < |calls| && IsUpdate(calls[i], id);
    assert IsUpdate(all[i], id);
    forall j | 0 <= j < |all| && IsUpdate(all[j], id)
      ensures all[j].content <= later && (all[j].answer == Accepted ==> last.Some? && all[j].at <= last.value)
    {
      if j < |calls| { assert IsUpdate(calls[j], id); }
    }
  }

  /** The drafts are as before, but that a draft may be gone. */
  ghost predicate LeavesDrafts(s: State, s': State) {
    && s'.drafts == s.drafts && s'.draftID == s.draftID
    && s.calls <= s'.calls && NoUpdates(s'.calls[|s.calls|..])
    && (s'.draftLive ==> s.draftLive && s'.lastDraft == s.lastDraft && s.respBuf <= s'.respBuf)
  }

  lemma LeavingKeeps(cfg: Config, s: State, s': State)
    requires DraftsRight(cfg, s) && LeavesDrafts(s, s')
    ensures DraftsRight(cfg, s')
  {
    hide Spaced, SomeRefused, Standing, NoUpdates;
    var more := s'.calls[|s.calls|..];
    assert s'.calls == s.calls + more;
    OtherCalls(s.calls, more);
    OtherUpdates(s.calls, more, s.draftID, cfg.canDraft);
    if s'.draftLive { StillStanding(s.calls, more, s.draftID, s.respBuf, s'.respBuf, s.lastDraft); }
  }

  lemma OtherUpdates(calls: seq<Call>, more: seq<Call>, id: nat, canDraft: bool)
    requires UpdatesOf(calls, id, canDraft) && NoUpdates(more)
    ensures UpdatesOf(calls + more, id, canDraft)
  {}

  lemma LeavingTwice(s: State, s1: State, s2: State)
    requires LeavesDrafts(s, s1) && LeavesDrafts(s1, s2)
    ensures LeavesDrafts(s, s2)
  {
    var more, last := s1.calls[|s.calls|..], s2.calls[|s1.calls|..];
    assert s2.calls[|s.calls|..] == more + last;
  }

  lemma FlushLeaves(s: State, ok: bool)
    ensures LeavesDrafts(s, FlushDraft(s, ok).state)
  {}

  lemma SendLeaves(s: State, call: Call, kind: Kind, ok: bool)
    requires !call.UpdateDraft?
    ensures LeavesDrafts(s, Send(s, call, kind, ok).0) && Send(s, call, kind, ok).0.respBuf == s.respBuf
  {
    hide Blank;
  }

  lemma NewStatusLeaves(s: State, content: string, ok: bool)
    requires !s.draftLive
    ensures LeavesDrafts(s, SendNewStatus(s, content, ok).state)
  {
    hide Truncate, Send;
    SendLeaves(s, SendStatus(Truncate(content)), Status, ok);
  }

  lemma RecoverStatusLeaves(cfg: Config, s: State, text: string, ok: bool)
    requires !s.draftLive
    ensures LeavesDrafts(s, RecoverStatus(cfg, s, text, ok).state)
  {
    hide Truncate, Suffix, Prefix, Send;
    var restart := Prefix(cfg, text);
    var s' := s.(statusBuf := restart, statusID := None);
    SendLeaves(s', SendStatus(Truncate(Suffix(cfg, s.wrapOpen, restart))), Status, ok);
  }

  lemma EditStatusLeaves(cfg: Config, s: State, text: string, content: string, env: Env)
    requires s.statusID.Some? && !s.draftLive
    ensures LeavesDrafts(s, EditOrRecoverStatus(cfg, s, text, content, env).state)
  {
    hide Truncate, RecoverStatus, Shown;
    var edit := EditStatus(Shown(s, s.statusID.value), Truncate(content));
    var s1 := s.(calls := s.calls + [edit]);
    assert LeavesDrafts(s, s1);
    RecoverStatusLeaves(cfg, s1, text, env.recoveryOk);
    if !env.editOk && Shown(s, s.statusID.value) != Truncate(content) {
      LeavingTwice(s, s1, RecoverStatus(cfg, s1, text, env.recoveryOk).state);
    }
  }

  lemma StatusLeaves(cfg: Config, s: State, t: string, env: Env)
    requires !s.draftLive
    ensures LeavesDrafts(s, AppendStatus(cfg, s, t, env).state)
  {
    hide ByteLength, Suffix, Prefix, SendNewStatus, EditOrRecoverStatus;
    var opening := !s.wrapOpen && cfg.open != "";
    var text := if opening then cfg.open + t else t;
    var s1 := s.(wrapOpen := s.wrapOpen || opening, statusBuf := s.statusBuf + text);
    var content := Suffix(cfg, s1.wrapOpen, s1.statusBuf);
    var s2 := s1.(statusBuf := Prefix(cfg, text), statusID := None);
    NewStatusLeaves(s2, Suffix(cfg, s1.wrapOpen, Prefix(cfg, text)), env.sendOk);
    NewStatusLeaves(s1, content, env.sendOk);
    if s1.statusID.Some? { EditStatusLeaves(cfg, s1, text, content, env); }
  }

  lemma WriteStatusLeaves(cfg: Config, s: State, t: string, env: Env)
    ensures LeavesDrafts(s, WriteStatus(cfg, s, t, env).state)
  {
    hide AppendStatus;
    var flushed := FlushDraft(s, env.flushOk);
    FlushLeaves(s, env.flushOk);
    if !flushed.failed {
      StatusLeaves(cfg, StartStatus(flushed.state), t, env);
      LeavingTwice(s, flushed.state, StartStatus(flushed.state));
      LeavingTwice(s, StartStatus(flushed.state), AppendStatus(cfg, StartStatus(flushed.state), t, env).state);
    }
  }

  lemma RotateLeaves(cfg: Config, s: State, t: string, ok: bool)
    requires s.respSealed ==> !s.draftLive
    ensures LeavesDrafts(s, RotateReply(cfg, StartReply(s), t, ok).state)
  {
    hide ByteLength;
  }

  lemma NewReplyLeaves(s: State, ok: bool)
    requires !s.draftLive
    ensures LeavesDrafts(s, SendNewReply(s, ok).state)
  {
    hide Send;
    SendLeaves(s, SendReply(s.respBuf), Reply, ok);
  }

  lemma EditReplyLeaves(s: State, t: string, env: Env)
    requires s.respID.Some? && !s.draftLive
    ensures LeavesDrafts(s, EditOrRecoverReply(s, t, env).state)
  {
    hide SendNewReply, Shown;
    var shown := Shown(s, s.respID.value);
    var s1 := s.(calls := s.calls + [EditReply(shown, s.respBuf)]);
    assert LeavesDrafts(s, s1);
    var s2 := s1.(respBuf := t, respID := None);
    NewReplyLeaves(s2, env.recoveryOk);
    if !env.editOk && shown != s.respBuf {
      assert LeavesDrafts(s1, s2);
      LeavingTwice(s, s1, s2);
      LeavingTwice(s, s2, SendNewReply(s2, env.recoveryOk).state);
    }
  }

  // ---- An update ------------------------------------------------------------------------------

  /** The draft a reply without a message is shown as: the one that stands, or a new one. */
  function DraftFor(s: State): nat { if s.draftLive then s.draftID else s.draftID + 1 }

  /** Whether it is shown now: a new draft at once, a standing one 700 ms after its last update. */
  predicate Due(s: State, now: int) {
    !s.draftLive
    || match LastAccepted(s.calls, s.draftID)
       case None => true
       case Some(at) => now - at >= 700
  }

  lemma Updated(cfg: Config, s: State, t: string, env: Env)
    requires DraftsRight(cfg, s) && s.drafts && Due(s, env.now)
    ensures var all := s.calls + [UpdateDraft(DraftFor(s), s.respBuf + t, env.now, env.draft)];
            && Spaced(all) && UpdatesOf(all, DraftFor(s), cfg.canDraft)
            && (SomeRefused(all) <==> env.draft == Refused)
  {
    var c := UpdateDraft(DraftFor(s), s.respBuf + t, env.now, env.draft);
    var all := s.calls + [c];
    forall i, j | 0 <= i < j < |all| ensures MayFollow(all[i], all[j]) {
      if j == |s.calls| && all[i].UpdateDraft? {
        assert !IsRefusal(s.calls[i]);
        assert all[i].id <= s.draftID;
        if s.draftLive && all[i].id == s.draftID { assert IsUpdate(s.calls[i], s.draftID); }
      } else if j < |s.calls| {
        assert MayFollow(s.calls[i], s.calls[j]);
      }
    }
    assert all[|s.calls|] == c;
    if env.draft == Refused { assert IsRefusal(all[|s.calls|]); }
    if SomeRefused(all) {
      var i :| 0 <= i < |all| && IsRefusal(all[i]);
      if i < |s.calls| { assert false; }
    }
  }

  lemma UpdatedStands(cfg: Config, s: State, t: string, env: Env)
    requires DraftsRight(cfg, s) && s.drafts && Due(s, env.now)
    ensures var all := s.calls + [UpdateDraft(DraftFor(s), s.respBuf + t, env.now, env.draft)];
            var last := if env.draft == Accepted then Some(env.now) else if s.draftLive then s.lastDraft else None;
            Standing(all, DraftFor(s), s.respBuf + t, last)
  {
    var id := DraftFor(s);
    var c := UpdateDraft(id, s.respBuf + t, env.now, env.draft);
    var all := s.calls + [c];
    var last := if env.draft == Accepted then Some(env.now) else if s.draftLive then s.lastDraft else None;
    assert all[..|s.calls|] == s.calls && IsUpdate(all[|s.calls|], id);
    if !s.draftLive { NewDraft(s.calls, id); }
    forall i | 0 <= i < |all| && IsUpdate(all[i], id)
      ensures all[i].content <= s.respBuf + t
              && (all[i].answer == Accepted ==> last.Some? && all[i].at <= last.value)
    {
      if i < |s.calls| { assert IsUpdate(s.calls[i], id); }
    }
  }

  lemma {:induction false} NewDraft(calls: seq<Call>, id: nat)
    requires forall i | 0 <= i < |calls| && calls[i].UpdateDraft? :: calls[i].id < id
    ensures LastAccepted(calls, id) == None
    decreases |calls|
  {
    if calls != [] { NewDraft(calls[..|calls| - 1], id); }
  }

  /** The reply shown so far as a draft, if the channel takes it. */
  function Drafted(s: State, content: string, env: Env): State {
    if !Due(s, env.now) then s.(respBuf := content)
    else
      s.(respBuf := content, drafts := env.draft != Refused, draftLive := env.draft != Refused,
         draftID := DraftFor(s), calls := s.calls + [UpdateDraft(DraftFor(s), content, env.now, env.draft)],
         lastDraft := if env.draft == Accepted then Some(env.now) else if s.draftLive then s.lastDraft else None)
  }

  lemma StreamsDraft(s: State, content: string, env: Env)
    requires s.drafts && (s.draftLive ==> s.lastDraft == LastAccepted(s.calls, s.draftID))
    ensures StreamDraft(s.(respBuf := content), env)
         == (Drafted(s, content, env), Drafted(s, content, env).draftLive)
  {}

  lemma DraftedKeeps(cfg: Config, s: State, t: string, env: Env)
    requires DraftsRight(cfg, s) && s.drafts
    ensures DraftsRight(cfg, Drafted(s, s.respBuf + t, env))
  {
    hide Spaced, SomeRefused, Standing, Due;
    if Due(s, env.now) {
      Updated(cfg, s, t, env);
      UpdatedStands(cfg, s, t, env);
    } else {
      NotDue(s, env.now);
      StillStanding(s.calls, [], s.draftID, s.respBuf, s.respBuf + t, s.lastDraft);
      Unit(s.calls);
    }
  }

  lemma NotDue(s: State, now: int)
    ensures !Due(s, now) ==> s.draftLive
  {}

  /** What showing a reply without a message does: told of the draft's updates, not of how they are
      made. */
  lemma ShowDrafted(cfg: Config, s: State, t: string, env: Env)
    requires DraftsRight(cfg, s) && s.drafts && s.respID.None? && !Blank(s.respBuf + t) && env.sendOk
    ensures var content := s.respBuf + t;
            var o := ShowReply(s.(respBuf := content), t, env);
            var update := UpdateDraft(DraftFor(s), content, env.now, env.draft);
            && !o.failed && o.state.respBuf == content
            && if Due(s, env.now) && env.draft == Refused
               then !o.state.draftLive && o.state.respID == Some(|s.log|)
                    && o.state.log == s.log + [Message(Reply, content)]
                    && o.state.calls == s.calls + [update, SendReply(content)]
               else o.state.draftLive && o.state.respID == None && o.state.log == s.log
                    && o.state.calls == if Due(s, env.now) then s.calls + [update] else s.calls
  {
    hide StreamDraft, Blank, Due, LastAccepted, Spaced;
    var content := s.respBuf + t;
    StreamsDraft(s, content, env);
    NotDue(s, env.now);
    Associative(s.calls, [UpdateDraft(DraftFor(s), content, env.now, env.draft)], [SendReply(content)]);
  }

  // ---- Whole turns ----------------------------------------------------------------------------

  lemma ShowKeepsDrafts(cfg: Config, s: State, t: string, env: Env)
    requires DraftsRight(cfg, s) && (s.draftLive ==> s.respID.None?)
    ensures DraftsRight(cfg, ShowReply(s.(respBuf := s.respBuf + t), t, env).state)
  {
    hide StreamDraft, Blank, Due, LastAccepted, Spaced, SomeRefused, SendNewReply, EditOrRecoverReply;
    var content := s.respBuf + t;
    var added := s.(respBuf := content);
    Unit(s.calls);
    assert LeavesDrafts(s, added);
    LeavingKeeps(cfg, s, added);
    if s.drafts && s.respID.None? {
      StreamsDraft(s, content, env);
      DraftedKeeps(cfg, s, t, env);
      var d := Drafted(s, content, env);
      if !d.draftLive {
        NewReplyLeaves(d, env.sendOk);
        LeavingKeeps(cfg, d, SendNewReply(d, env.sendOk).state);
      }
    } else {
      NewReplyLeaves(added, env.sendOk);
      if s.respID.None? {
        LeavingKeeps(cfg, added, SendNewReply(added, env.sendOk).state);
      } else {
        EditReplyLeaves(added, t, env);
        LeavingKeeps(cfg, added, EditOrRecoverReply(added, t, env).state);
      }
    }
  }

  lemma WriteKeepsDrafts(cfg: Config, s: State, w: Write, env: Env)
    requires DraftsRight(cfg, s) && (s.draftLive ==> s.respID.None?) && (s.respSealed ==> !s.draftLive)
    ensures DraftsRight(cfg, WriteSplit(cfg, s, w, env).state)
  {
    hide DraftsRight, LeavesDrafts, WriteStatus, ShowReply, ByteLength;
    match w
    case Write(Status, t) =>
      WriteStatusLeaves(cfg, s, t, env);
      LeavingKeeps(cfg, s, WriteStatus(cfg, s, t, env).state);
    case Write(Reply, t) =>
      var rotated := RotateReply(cfg, StartReply(s), t, env.flushOk);
      RotateLeaves(cfg, s, t, env.flushOk);
      LeavingKeeps(cfg, s, rotated.state);
      if !rotated.failed { ShowKeepsDrafts(cfg, rotated.state, t, env); }
  }

  lemma {:induction false} RunKeepsDrafts(cfg: Config, steps: seq<Step>)
    ensures var s := Run(cfg, steps).state;
            DraftsRight(cfg, s) && (s.draftLive ==> s.respID.None?) && (s.respSealed ==> !s.draftLive)
    decreases |steps|
  {
    hide WriteSplit, DraftsRight;
    if steps == [] {
      NoDraftsYet(cfg);
    } else {
      var front, step := steps[..|steps| - 1], steps[|steps| - 1];
      RunKeepsDrafts(cfg, front);
      var t := Run(cfg, front);
      if !t.failed { WriteKeepsDrafts(cfg, t.state, step.write, step.env); }
      DraftsAlone(cfg, steps);
    }
  }

  lemma NoDraftsYet(cfg: Config)
    ensures DraftsRight(cfg, Initial(cfg))
  {}

  /** A draft stands alone: the reply it shows has no message. */
  lemma DraftsAlone(cfg: Config, steps: seq<Step>)
    ensures var s := Run(cfg, steps).state; (s.draftLive ==> s.respID.None?) && (s.respSealed ==> !s.draftLive)
  {
    hide Run;
    if Run(cfg, steps).failed {
      FailedTurnHoldsNoDraft(cfg, steps);
    } else {
      var g := RunKeeps(cfg, Nothing, steps);
    }
  }

  /** The draft updates of a turn, however the transport answers: none where the channel shows no
      drafts; each draft's one after the other, showing ever more of its reply, an accepted one 700
      ms before the next; and none at all once one was refused. */
  lemma DraftsAreSpaced(cfg: Config, steps: seq<Step>, ok: bool)
    ensures var calls := Finish(Run(cfg, steps), ok).state.calls;
            && (forall i, j | 0 <= i < j < |calls| :: MayFollow(calls[i], calls[j]))
            && (forall i | 0 <= i < |calls| && calls[i].UpdateDraft? :: cfg.canDraft)
  {
    hide Run;
    var s := Run(cfg, steps).state;
    RunKeepsDrafts(cfg, steps);
    FlushLeaves(s, ok);
    LeavingKeeps(cfg, s, FlushDraft(s, ok).state);
  }

  /** Drafts are given up for the rest of the turn exactly once one was refused; and while one stands
      for the reply, the channel has been shown it, the last time some part of the reply so far. */
  lemma RefusalEndsDrafts(cfg: Config, steps: seq<Step>)
    ensures var s := Run(cfg, steps).state;
            && (s.drafts <==> cfg.canDraft && !SomeRefused(s.calls))
            && (s.draftLive ==> s.drafts && Begun(s.calls, s.draftID)
                                && forall i | 0 <= i < |s.calls| && IsUpdate(s.calls[i], s.draftID) ::
                                     s.calls[i].content <= s.respBuf)
  {
    RunKeepsDrafts(cfg, steps);
  }

  // ---- One reply text -------------------------------------------------------------------------

  /** Whether a text would take the reply it continues past its limit, and so begins a new one. */
  predicate Rotates(cfg: Config, s: State, text: string) {
    !s.respSealed && s.respBuf != "" && ByteLength(s.respBuf) + ByteLength(text) > cfg.replyLimit
  }

  /** The reply so far with a text added to it, or the text alone if it begins a new reply. */
  function ReplySoFar(cfg: Config, s: State, text: string): string {
    if s.respSealed || Rotates(cfg, s, text) then text else s.respBuf + text
  }

  /** Whether the draft that stands goes on with this text; a text that begins a new reply ends it. */
  predicate DraftGoesOn(cfg: Config, s: State, text: string) { s.draftLive && !Rotates(cfg, s, text) }

  predicate DraftEnds(cfg: Config, s: State, text: string) { s.draftLive && Rotates(cfg, s, text) }

  lemma Rotated(cfg: Config, s: State, text: string, ok: bool)
    requires s.draftLive ==> s.respID.None? && !Blank(s.respBuf)
    requires s.respSealed ==> s.respID.Some?
    requires (s.respID.None? || s.respSealed || Rotates(cfg, s, text)) && ok
    ensures var o := RotateReply(cfg, StartReply(s), text, ok);
            && !o.failed && o.state.respID.None? && o.state.respBuf + text == ReplySoFar(cfg, s, text)
            && (o.state.draftLive <==> DraftGoesOn(cfg, s, text)) && o.state.drafts == s.drafts
            && o.state.draftID == s.draftID && (!DraftEnds(cfg, s, text) ==> o.state.calls == s.calls)
            && o.state.log == s.log + (if DraftEnds(cfg, s, text) then [Message(Reply, s.respBuf)] else [])
            && o.state.calls == s.calls + (if DraftEnds(cfg, s, text) then [SendReply(s.respBuf)] else [])
  {
    hide ByteLength, Blank;
    Unit(s.log);
    Unit(s.calls);
  }

  /** A visible reply text that no message takes, on a channel that shows drafts and has refused none,
      sends accepted. A draft that ends with it becomes a message first. If the draft for the text is
      due, it is updated with the whole reply so far; if that is refused, the reply becomes the
      chat's last message and no draft stands. Otherwise, stopped, accepted or too early, the chat
      is left alone and the draft stands for the whole reply. */
  lemma DraftedReplyExactly(cfg: Config, steps: seq<Step>, text: string, env: Env)
    requires var t := Run(cfg, steps);
             !t.failed && cfg.canDraft && !SomeRefused(t.state.calls) && env.flushOk && env.sendOk
             && (t.state.respID.None? || t.state.respSealed || Rotates(cfg, t.state, text))
             && !Blank(ReplySoFar(cfg, t.state, text))
    ensures var s := Run(cfg, steps).state;
            var o := WriteSplit(cfg, s, Write(Reply, text), env);
            var reply, goesOn := ReplySoFar(cfg, s, text), DraftGoesOn(cfg, s, text);
            var log := s.log + (if DraftEnds(cfg, s, text) then [Message(Reply, s.respBuf)] else []);
            var calls := s.calls + (if DraftEnds(cfg, s, text) then [SendReply(s.respBuf)] else []);
            var update := UpdateDraft(if goesOn then s.draftID else s.draftID + 1, reply, env.now, env.draft);
            var due := goesOn ==> match LastAccepted(s.calls, s.draftID)
                                  case None => true
                                  case Some(at) => env.now - at >= 700;
            && !o.failed && o.state.respBuf == reply
            && if due && env.draft == Refused
               then o.state.log == log + [Message(Reply, reply)] && !o.state.draftLive
                    && o.state.calls == calls + [update, SendReply(reply)]
               else o.state.log == log && o.state.draftLive
                    && o.state.calls == if due then calls + [update] else calls
  {
    hide Run, WriteReply, ByteLength, Blank, SomeRefused, DraftsRight, ReplySoFar, Rotates, LastAccepted;
    var s := Run(cfg, steps).state;
    RunKeepsDrafts(cfg, steps);
    RefusalEndsDrafts(cfg, steps);
    DraftsHold(cfg, steps);
    WritesDraft(cfg, s, text, env);
  }

  lemma DraftsHold(cfg: Config, steps: seq<Step>)
    requires !Run(cfg, steps).failed
    ensures var s := Run(cfg, steps).state;
            (s.draftLive ==> s.respID.None? && !Blank(s.respBuf)) && (s.respSealed ==> s.respID.Some?)
  {
    hide Run;
    var g := RunKeeps(cfg, Nothing, steps);
  }

  /** Whether the draft for a text is to be updated. */
  predicate TextDue(cfg: Config, s: State, text: string, now: int) {
    DraftGoesOn(cfg, s, text) ==> match LastAccepted(s.calls, s.draftID)
                                  case None => true
                                  case Some(at) => now - at >= 700
  }

  lemma WritesDraft(cfg: Config, s: State, text: string, env: Env)
    requires DraftsRight(cfg, s) && s.drafts && env.flushOk && env.sendOk
    requires (s.draftLive ==> s.respID.None? && !Blank(s.respBuf)) && (s.respSealed ==> s.respID.Some?)
    requires (s.respID.None? || s.respSealed || Rotates(cfg, s, text)) && !Blank(ReplySoFar(cfg, s, text))
    ensures var o := WriteReply(cfg, s, text, env);
            var reply := ReplySoFar(cfg, s, text);
            var log := s.log + (if DraftEnds(cfg, s, text) then [Message(Reply, s.respBuf)] else []);
            var calls := s.calls + (if DraftEnds(cfg, s, text) then [SendReply(s.respBuf)] else []);
            var update := UpdateDraft(if DraftGoesOn(cfg, s, text) then s.draftID else s.draftID + 1, reply,
                                      env.now, env.draft);
            var due := TextDue(cfg, s, text, env.now);
            && !o.failed && o.state.respBuf == reply
            && if due && env.draft == Refused
               then o.state.log == log + [Message(Reply, reply)] && !o.state.draftLive
                    && o.state.calls == calls + [update, SendReply(reply)]
               else o.state.log == log && o.state.draftLive
                    && o.state.calls == if due then calls + [update] else calls
  {
    hide ShowReply, RotateReply, StartReply, ByteLength, Blank, LastAccepted, DraftsRight, LeavesDrafts,
      Rotates, ReplySoFar;
    Rotated(cfg, s, text, env.flushOk);
    var rotated := RotateReply(cfg, StartReply(s), text, env.flushOk).state;
    RotateLeaves(cfg, s, text, env.flushOk);
    LeavingKeeps(cfg, s, rotated);
    ShowDrafted(cfg, rotated, text, env);
  }
}
