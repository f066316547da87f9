/** The turn writer as the program runs it: an object updated in place, write by write. */
module TurnWriterObject {
  import opened Base
  import opened CodePoints
  import Spec = TurnWriter
  import Reading = TurnWriterReading

  /** The channel's write side. Each method is told how the transport answers. */
  class Transport {
    var log: seq<Spec.Message>
    var calls: seq<Spec.Call>

    constructor ()
      ensures log == [] && calls == []
    {
      log, calls := [], [];
    }

    method Send(call: Spec.Call, kind: Kind, ok: bool) returns (id: Option<nat>)
      modifies this
      ensures calls == old(calls) + [call]
      ensures id.Some? <==> ok && !Blank(call.content)
      ensures id.Some? ==> id.value == |old(log)| && log == old(log) + [Spec.Message(kind, call.content)]
      ensures id.None? ==> log == old(log)
    {
      calls := calls + [call];
      id := None;
      if ok && !Blank(call.content) {
        id := Some(|log|);
        log := log + [Spec.Message(kind, call.content)];
      }
    }

    /** StreamDraft shows a text as a draft; a draft is no message of the chat. */
    method StreamDraft(id: nat, content: string, now: int, answer: Spec.DraftAnswer)
      modifies this`calls
      ensures calls == old(calls) + [Spec.UpdateDraft(id, content, now, answer)]
    {
      calls := calls + [Spec.UpdateDraft(id, content, now, answer)];
    }

    /** Edit reports failure, and whether the failure is only that nothing would change. */
    method Edit(call: Spec.Call, id: nat, ok: bool) returns (failed: bool, notModified: bool)
      requires call.EditStatus? || call.EditReply?
      modifies this
      ensures calls == old(calls) + [call] && failed == !ok && (notModified <==> !ok && call.shown == call.content)
      ensures log == if ok && id < |old(log)| then old(log)[id := old(log)[id].(content := call.content)] else old(log)
    {
      calls := calls + [call];
      failed, notModified := !ok, !ok && call.shown == call.content;
      if ok && id < |log| { log := log[id := log[id].(content := call.content)]; }
    }
  }

  class TurnWriter {
    const cfg: Spec.Config
    const transport: Transport
    var statusBuf: string
    var statusID: Option<nat>
    var respBuf: string
    var respID: Option<nat>
    var statusSealed: bool
    var respSealed: bool
    var wrapOpen: bool
    var drafts: bool
    var draftLive: bool
    var draftID: nat
    var lastDraft: Option<int>

    function State(): Spec.State
      reads this, transport
    {
      Spec.State(statusBuf, statusID, respBuf, respID, statusSealed, respSealed, wrapOpen, drafts, draftLive,
                 draftID, lastDraft, transport.log, transport.calls)
    }

    constructor (cfg: Spec.Config, transport: Transport)
      requires transport.log == [] && transport.calls == []
      ensures this.cfg == cfg && this.transport == transport && State() == Spec.Initial(cfg)
    {
      this.cfg, this.transport := cfg, transport;
      statusBuf, statusID, respBuf, respID := "", None, "", None;
      statusSealed, respSealed, wrapOpen := false, false, false;
      drafts, draftLive, draftID, lastDraft := cfg.canDraft, false, 0, None;
    }

    method FlushDraft(ok: bool) returns (failed: bool)
      modifies this, transport
      ensures Spec.Outcome(State(), failed) == Spec.FlushDraft(old(State()), ok)
    {
      if !draftLive { return false; }
      draftLive := false;
      var id := transport.Send(Spec.SendReply(respBuf), Reply, ok);
      if id.None? { return true; }
      respID := id;
      return false;
    }

    method StreamDraft(env: Spec.Env) returns (standing: bool)
      modifies this, transport
      ensures (State(), standing) == Spec.StreamDraft(old(State()), env)
    {
      if !draftLive {
        draftLive := true;
        draftID := draftID + 1;
        lastDraft := None;
      }
      if lastDraft.Some? && env.now - lastDraft.value < Spec.DRAFT_INTERVAL { return true; }
      transport.StreamDraft(draftID, respBuf, env.now, env.draft);
      match env.draft {
        case Accepted => lastDraft := Some(env.now); return true;
        case Stopped => return true;
        case Refused => drafts, draftLive := false, false; return false;
      }
    }

    method WriteStatus(raw: string, env: Spec.Env) returns (failed: bool)
      modifies this, transport
      ensures Spec.Outcome(State(), failed) == Spec.WriteStatus(cfg, old(State()), raw, env)
    {
      hide Spec.AppendStatus;
      failed := FlushDraft(env.flushOk);
      if failed { return; }
      if statusSealed {
        statusBuf, statusID, statusSealed, wrapOpen := "", None, false, false;
      }
      failed := AppendStatus(raw, env);
    }

    method AppendStatus(raw: string, env: Spec.Env) returns (failed: bool)
      modifies this, transport
      ensures Spec.Outcome(State(), failed) == Spec.AppendStatus(cfg, old(State()), raw, env)
    {
      hide Spec.EditOrRecoverStatus, Spec.SendNewStatus, ByteLength;
      failed := false;
      var text := raw;
      if !wrapOpen && cfg.open != "" {
        text := cfg.open + text;
        wrapOpen := true;
      }
      statusBuf := statusBuf + text;
      var content := Spec.Suffix(cfg, wrapOpen, statusBuf);
      if statusID.Some? && ByteLength(content) > Spec.MAX_MESSAGE_LEN {
        statusBuf := Spec.Prefix(cfg, text);
        statusID := None;
        content := Spec.Suffix(cfg, wrapOpen, statusBuf);
      }
      if statusID.None? {
        SendNewStatus(content, env.sendOk);
      } else {
        EditStatus(text, content, env);
      }
    }

    method SendNewStatus(content: string, ok: bool)
      modifies this, transport
      ensures Spec.Outcome(State(), false) == Spec.SendNewStatus(old(State()), content, ok)
    {
      var id := transport.Send(Spec.SendStatus(Spec.Truncate(content)), Status, ok);
      if id.Some? {
        statusID := id;
        if respID.Some? { respSealed := true; }
      }
    }

    method EditStatus(text: string, content: string, env: Spec.Env)
      requires statusID.Some?
      modifies this, transport
      ensures Spec.Outcome(State(), false) == Spec.EditOrRecoverStatus(cfg, old(State()), text, content, env)
    {
      hide Spec.Truncate, Spec.RecoverStatus;
      var call := Spec.EditStatus(Spec.Shown(State(), statusID.value), Spec.Truncate(content));
      var failed, notModified := transport.Edit(call, statusID.value, env.editOk);
      if failed && !notModified { RecoverStatus(text, env.recoveryOk); }
    }

    method RecoverStatus(text: string, ok: bool)
      modifies this, transport
      ensures Spec.Outcome(State(), false) == Spec.RecoverStatus(cfg, old(State()), text, ok)
    {
      statusBuf := Spec.Prefix(cfg, text);
      statusID := None;
      var again := Spec.Truncate(Spec.Suffix(cfg, wrapOpen, statusBuf));
      statusID := transport.Send(Spec.SendStatus(again), Status, ok);
    }

    method WriteReply(text: string, env: Spec.Env) returns (failed: bool)
      modifies this, transport
      ensures Spec.Outcome(State(), failed) == Spec.WriteReply(cfg, old(State()), text, env)
    {
      hide Blank, Spec.ShowReply, ByteLength;
      if respSealed {
        respBuf, respID, respSealed := "", None, false;
      }
      if respID.None? { statusSealed := true; }
      assert State() == Spec.StartReply(old(State()));
      if |respBuf| > 0 && ByteLength(respBuf) + ByteLength(text) > cfg.replyLimit {
        failed := FlushDraft(env.flushOk);
        if failed { return; }
        respBuf, respID := "", None;
      }
      respBuf := respBuf + text;
      failed := ShowReply(text, env);
    }

    method ShowReply(text: string, env: Spec.Env) returns (failed: bool)
      modifies this, transport
      ensures Spec.Outcome(State(), failed) == Spec.ShowReply(old(State()), text, env)
    {
      hide Blank, Spec.SendNewReply, Spec.EditOrRecoverReply;
      if Blank(respBuf) { return false; }
      if drafts && respID.None? {
        var standing := StreamDraft(env);
        if standing { return false; }
      }
      if respID.None? {
        failed := SendNewReply(env.sendOk);
        return;
      }
      failed := EditReply(text, env);
    }

    method SendNewReply(ok: bool) returns (failed: bool)
      modifies this, transport
      ensures Spec.Outcome(State(), failed) == Spec.SendNewReply(old(State()), ok)
    {
      var id := transport.Send(Spec.SendReply(respBuf), Reply, ok);
      if id.None? { return true; }
      respID := id;
      return false;
    }

    method EditReply(text: string, env: Spec.Env) returns (failed: bool)
      requires respID.Some?
      modifies this, transport
      ensures Spec.Outcome(State(), failed) == Spec.EditOrRecoverReply(old(State()), text, env)
    {
      hide Spec.SendNewReply;
      var call := Spec.EditReply(Spec.Shown(State(), respID.value), respBuf);
      var refused, notModified := transport.Edit(call, respID.value, env.editOk);
      if !refused || notModified { return false; }
      respBuf, respID := text, None;
      failed := SendNewReply(env.recoveryOk);
    }

    method WriteSplit(w: Write, env: Spec.Env) returns (failed: bool)
      modifies this, transport
      ensures Spec.Outcome(State(), failed) == Spec.WriteSplit(cfg, old(State()), w, env)
    {
      match w.kind {
        case Status => failed := WriteStatus(w.text, env);
        case Reply => failed := WriteReply(w.text, env);
      }
    }
  }

  /** One turn of the program: the writes in order until one fails, then the final flush. With
      every send of a visible text accepted, the chat then reads as the writes done. */
  method HandleTurn(cfg: Spec.Config, transport: Transport, steps: seq<Spec.Step>, flushOk: bool)
    returns (done: nat, failed: bool)
    requires transport.log == [] && transport.calls == []
    modifies transport
    ensures done == |Spec.Run(cfg, steps).writes|
    ensures failed == (Spec.Run(cfg, steps).failed || Spec.Finish(Spec.Run(cfg, steps), flushOk).failed)
    ensures transport.log == Spec.Finish(Spec.Run(cfg, steps), flushOk).state.log
    ensures Reading.Answered(Reading.Everything, steps) && flushOk
            ==> Reading.ReadsAs(cfg, Reading.Everything, transport.log, Spec.Run(cfg, steps).writes)
  {
    var writer := new TurnWriter(cfg, transport);
    done, failed := 0, false;
    while done < |steps| && !failed
      invariant done <= |steps|
      invariant writer.cfg == cfg && writer.transport == transport
      invariant Spec.Run(cfg, steps[..done]).state == writer.State()
      invariant Spec.Run(cfg, steps[..done]).failed == failed
      invariant |Spec.Run(cfg, steps[..done]).writes| == done
      decreases |steps| - done
    {
      assert steps[..done + 1][..done] == steps[..done];
      failed := writer.WriteSplit(steps[done].write, steps[done].env);
      done := done + 1;
    }
    RunStops(cfg, steps, done);
    assert steps[..|steps|] == steps;
    ghost var turn := Spec.Run(cfg, steps);
    var flushFailed := writer.FlushDraft(flushOk);
    failed := failed || flushFailed;
    if Reading.Answered(Reading.Everything, steps) && flushOk { Reading.ChatReadsAsWritten(cfg, steps); }
  }

  lemma {:induction false} RunStops(cfg: Spec.Config, steps: seq<Spec.Step>, n: nat)
    requires n <= |steps| && (Spec.Run(cfg, steps[..n]).failed || n == |steps|)
    ensures Spec.Run(cfg, steps) == Spec.Run(cfg, steps[..n])
  {
    if n < |steps| {
      assert steps[..|steps| - 1][..n] == steps[..n];
      RunStops(cfg, steps[..|steps| - 1], n);
    } else {
      assert steps[..n] == steps;
    }
  }
}
